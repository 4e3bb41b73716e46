/** The action cache. */
module Idempotency {
  import opened Wrappers
  import opened Dicts
  import opened JsonValues

  const CACHE_SIZE := 200
  const KEY_LENGTH := 160

  datatype Response = Response(action: string, key: string, result: Json)

  /** How the provider answers, should it be asked at all. */
  datatype Outcome = Unavailable | Rejected | Done(result: Json)

  /** An admitted action; saved tells whether the link file can be written afterwards. */
  datatype Request = Request(action: string, key: string, outcome: Outcome, saved: bool)

  datatype Reply = First(response: Response) | Replayed(response: Response)

  datatype ActionError = BadKey | RuntimeUnavailable | ProviderFailed | NotSaved

  function Id(action: string, key: string): string { action + ":" + key }

  function ResponseOf(q: Request, result: Json): Response { Response(q.action, q.key, result) }

  /** The last n entries. */
  function Newest<T>(s: seq<T>, n: nat): seq<T> {
    if |s| <= n then s else s[|s| - n..]
  }

  predicate KeyOk(q: Request) { 0 < |q.key| <= KEY_LENGTH }

  /** The request runs on the provider, succeeds there and is recorded. */
  predicate Records(cache: Dict<Response>, q: Request) {
    KeyOk(q) && Id(q.action, q.key) !in Keys(cache) && q.outcome.Done? && q.saved
  }

  function Answer(cache: Dict<Response>, q: Request): Result<Reply, ActionError> {
    var known := Get(cache, Id(q.action, q.key));
    if !KeyOk(q) then Err(BadKey)
    else if known.Some? then Ok(Replayed(known.value))
    else match q.outcome
      case Unavailable => Err(RuntimeUnavailable)
      case Rejected => Err(ProviderFailed)
      case Done(result) => if q.saved then Ok(First(ResponseOf(q, result))) else Err(NotSaved)
  }

  class ExternalLink {
    var completed: Dict<Response>
    ghost var history: Dict<Response>   // every recorded execution, oldest first

    ghost predicate Valid()
      reads this
    {
      completed == Newest(history, CACHE_SIZE) && Distinct(completed)
    }

    constructor ()
      ensures Valid() && history == []
    {
      completed, history := [], [];
    }

    method Act(q: Request) returns (r: Result<Reply, ActionError>)
      requires Valid()
      modifies this
      ensures Valid()
      ensures r == Answer(old(completed), q)
      ensures history == Recorded(old(history), q)
    {
      if !(0 < |q.key| <= KEY_LENGTH) { return Err(BadKey); }
      var id := Id(q.action, q.key);
      var known := Get(completed, id);
      if known.Some? { return Ok(Replayed(known.value)); }
      match q.outcome {
        case Unavailable => return Err(RuntimeUnavailable);
        case Rejected => return Err(ProviderFailed);
        case Done(result) =>
          var response := ResponseOf(q, result);
          var updated := Put(completed, id, response);
          if |updated| > CACHE_SIZE { updated := updated[|updated| - CACHE_SIZE..]; }
          if !q.saved { return Err(NotSaved); }
          TrimmedIsNewest(history, (id, response));
          completed, history := updated, history + [(id, response)];
          r := Ok(First(response));
      }
    }
  }

  lemma TrimmedIsNewest(history: Dict<Response>, e: (string, Response))
    requires Distinct(Newest(history, CACHE_SIZE)) && e.0 !in Keys(Newest(history, CACHE_SIZE))
    ensures var all := Newest(history, CACHE_SIZE) + [e];
      Newest(history + [e], CACHE_SIZE) == Newest(all, CACHE_SIZE) && Distinct(Newest(all, CACHE_SIZE))
  {
    var cache := Newest(history, CACHE_SIZE);
    DistinctAppend(cache, [e]);
    assert [e][1..] == [];
    var all := cache + [e];
    if |all| > CACHE_SIZE {
      assert all == all[..1] + all[1..];
      DistinctAppend(all[..1], all[1..]);
    }
  }

  // ---- whole runs -------------------------------------------------------------

  function Recorded(history: Dict<Response>, q: Request): Dict<Response> {
    if Records(Newest(history, CACHE_SIZE), q) then history + [(Id(q.action, q.key), ResponseOf(q, q.outcome.result))]
    else history
  }

  /** The executions recorded by a run of requests on one link. */
  function History(run: seq<Request>): Dict<Response> {
    if run == [] then [] else Recorded(History(run[..|run| - 1]), run[|run| - 1])
  }

  predicate SpacedApart(history: Dict<Response>) {
    forall i, j :: 0 <= i < j < |history| && history[i].0 == history[j].0 ==> j - i > CACHE_SIZE
  }

  /** In every run, two recorded executions under one identity are more than 200 executions apart. */
  lemma {:induction false} RepeatsAreFarApart(run: seq<Request>)
    ensures SpacedApart(History(run))
  {
    if run != [] {
      var init, q := run[..|run| - 1], run[|run| - 1];
      RepeatsAreFarApart(init);
      var before, cache := History(init), Newest(History(init), CACHE_SIZE);
      if Records(cache, q) {
        forall i | 0 <= i < |before| && |before| - i <= CACHE_SIZE ensures before[i].0 in Keys(cache) {
          RecentIsCached(before, i);
        }
      }
    }
  }

  lemma RecentIsCached(h: Dict<Response>, i: nat)
    requires i < |h| && |h| - i <= CACHE_SIZE
    ensures h[i].0 in Keys(Newest(h, CACHE_SIZE))
  {
    var cache := Newest(h, CACHE_SIZE);
    KeysByIndex(cache, h[i].0);
    assert cache[i - (|h| - |cache|)] == h[i];
  }

  /** After any run, a request is answered from the cache exactly when its identity is among the
      last 200 recorded executions, and then with the response of that execution. */
  lemma ReplayedExactlyWhen(run: seq<Request>, q: Request)
    requires KeyOk(q)
    ensures var h := History(run); var a := Answer(Newest(h, CACHE_SIZE), q); var id := Id(q.action, q.key);
      && ((a.Ok? && a.value.Replayed?) <==> exists i :: 0 <= i < |h| && |h| - i <= CACHE_SIZE && h[i].0 == id)
      && (forall i :: 0 <= i < |h| && |h| - i <= CACHE_SIZE && h[i].0 == id ==> a == Ok(Replayed(h[i].1)))
  {
    var h := History(run);
    var cache, id := Newest(h, CACHE_SIZE), Id(q.action, q.key);
    RepeatsAreFarApart(run);
    KeysByIndex(cache, id);
    forall i | 0 <= i < |h| && |h| - i <= CACHE_SIZE && h[i].0 == id ensures Get(cache, id) == Some(h[i].1) {
      var at := i - (|h| - |cache|);
      assert cache[at] == h[i];
      CacheIsDistinct(h);
      GetAt(cache, at);
    }
    if id in Keys(cache) {
      var at :| 0 <= at < |cache| && cache[at].0 == id;
      assert h[at + |h| - |cache|] == cache[at];
    }
  }

  lemma CacheIsDistinct(h: Dict<Response>)
    requires SpacedApart(h)
    ensures Distinct(Newest(h, CACHE_SIZE))
  {
    var cache := Newest(h, CACHE_SIZE);
    forall i, j | 0 <= i < j < |cache| ensures cache[i].0 != cache[j].0 {
      var skip := |h| - |cache|;
      assert cache[i] == h[i + skip] && cache[j] == h[j + skip];
    }
    DistinctByIndex(cache);
  }

  // ---- executions, recorded or not --------------------------------------------

  /** One success of the provider; saved tells whether it was recorded. */
  datatype Execution = Execution(id: string, saved: bool)

  predicate Executes(cache: Dict<Response>, q: Request) {
    KeyOk(q) && Id(q.action, q.key) !in Keys(cache) && q.outcome.Done?
  }

  /** Everything the provider did for a run of requests on one link. */
  function Executions(run: seq<Request>): seq<Execution> {
    if run == [] then []
    else
      var init, q := run[..|run| - 1], run[|run| - 1];
      if Executes(Newest(History(init), CACHE_SIZE), q) then
        Executions(init) + [Execution(Id(q.action, q.key), q.saved)]
      else Executions(init)
  }

  function SavedIds(log: seq<Execution>): seq<string> {
    if log == [] then [] else (if log[0].saved then [log[0].id] else []) + SavedIds(log[1..])
  }

  lemma {:induction false} SavedIdsSplit(a: seq<Execution>, b: seq<Execution>)
    ensures SavedIds(a + b) == SavedIds(a) + SavedIds(b)
  {
    if a == [] {
      assert a + b == b;
    } else {
      assert (a + b)[1..] == a[1..] + b;
      SavedIdsSplit(a[1..], b);
    }
  }

  /** The records are the saved executions. */
  lemma {:induction false} HistoryIsSaved(run: seq<Request>)
    ensures var saved := SavedIds(Executions(run));
      |History(run)| == |saved| && forall i :: 0 <= i < |saved| ==> History(run)[i].0 == saved[i]
  {
    if run != [] {
      var init, q := run[..|run| - 1], run[|run| - 1];
      HistoryIsSaved(init);
      SavedIdsSplit(Executions(init), [Execution(Id(q.action, q.key), q.saved)]);
    }
  }

  predicate SavedFarApart(log: seq<Execution>) {
    forall i, j :: 0 <= i < j < |log| && log[i].id == log[j].id && log[i].saved ==>
      |SavedIds(log[i + 1..j])| >= CACHE_SIZE
  }

  /** In every run, once an execution is recorded the provider does the same again only after 200 more
      recorded executions, whether that repetition is recorded or not. */
  lemma {:induction false} ExecutionsAreFarApart(run: seq<Request>)
    ensures SavedFarApart(Executions(run))
  {
    if run != [] {
      var init, q := run[..|run| - 1], run[|run| - 1];
      ExecutionsAreFarApart(init);
      if Executes(Newest(History(init), CACHE_SIZE), q) { LastIsFarApart(init, q); }
    }
  }

  lemma {:induction false} LastIsFarApart(run: seq<Request>, q: Request)
    requires SavedFarApart(Executions(run)) && Executes(Newest(History(run), CACHE_SIZE), q)
    ensures SavedFarApart(Executions(run) + [Execution(Id(q.action, q.key), q.saved)])
  {
    var log, id := Executions(run), Id(q.action, q.key);
    var all := log + [Execution(id, q.saved)];
    forall i, j | 0 <= i < j < |all| && all[i].id == all[j].id && all[i].saved
      ensures |SavedIds(all[i + 1..j])| >= CACHE_SIZE
    {
      assert all[i + 1..j] == log[i + 1..j];
      if j == |log| { SavedBehind(run, i); }
    }
  }

  /** An execution with fewer than 200 records behind it is in the cache. */
  lemma {:induction false} SavedBehind(run: seq<Request>, i: nat)
    requires i < |Executions(run)| && Executions(run)[i].saved
    ensures var log := Executions(run);
      |SavedIds(log[i + 1..])| >= CACHE_SIZE || log[i].id in Keys(Newest(History(run), CACHE_SIZE))
  {
    var log := Executions(run);
    HistoryIsSaved(run);
    assert log == log[..i] + ([log[i]] + log[i + 1..]);
    SavedIdsSplit(log[..i], [log[i]] + log[i + 1..]);
    SavedIdsSplit([log[i]], log[i + 1..]);
    var k := |SavedIds(log[..i])|;
    assert SavedIds([log[i]]) == [log[i].id];
    assert SavedIds(log)[k] == log[i].id;
    if |SavedIds(log[i + 1..])| < CACHE_SIZE { RecentIsCached(History(run), k); }
  }

  /** An execution whose record could not be written is repeated by the retry. */
  lemma UnsavedExecutionRepeats(run: seq<Request>, q: Request)
    requires KeyOk(q) && q.outcome.Done? && Answer(Newest(History(run), CACHE_SIZE), q) == Err(NotSaved)
    ensures Answer(Newest(History(run + [q]), CACHE_SIZE), q.(saved := true))
      == Ok(First(ResponseOf(q, q.outcome.result)))
  {
    assert (run + [q])[..|run|] == run;
  }

  predicate Plain(action: string) { ':' !in action }

  /** Action names hold no colon, so an identity stands for one action and one key. */
  lemma {:induction false} IdsAreDistinct(action1: string, key1: string, action2: string, key2: string)
    requires Plain(action1) && Plain(action2)
    ensures Id(action1, key1) == Id(action2, key2) <==> action1 == action2 && key1 == key2
  {
    var id1, id2 := Id(action1, key1), Id(action2, key2);
    if id1 == id2 {
      assert id1[|action1|] == ':' && id2[|action2|] == ':';
      assert forall k :: 0 <= k < |action1| ==> id1[k] == action1[k];
      assert forall k :: 0 <= k < |action2| ==> id2[k] == action2[k];
      assert id1[..|action1|] == action1 && id2[..|action2|] == action2;
      assert id1[|action1| + 1..] == key1 && id2[|action2| + 1..] == key2;
    }
  }
}
