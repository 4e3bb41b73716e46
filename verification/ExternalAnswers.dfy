/** Which answers actions get. */
module ExternalAnswers {
  import opened Wrappers
  import opened Dicts
  import opened Idempotency

  /** The answer to a request after a run. */
  function AnswerAfter(run: seq<Request>, q: Request): Result<Reply, ActionError> {
    Answer(Newest(History(run), CACHE_SIZE), q)
  }

  /** The run's k-th request was answered as a first one with this response: it was done for this action and key. */
  predicate FirstAt(run: seq<Request>, k: int, response: Response) {
    && 0 <= k < |run| && AnswerAfter(run[..k], run[k]) == Ok(First(response))
    && run[k].outcome == Done(response.result)
    && run[k].action == response.action && run[k].key == response.key
  }

  /** Some first request of the run got that response under that identity. */
  ghost predicate WasFirst(run: seq<Request>, id: string, response: Response) {
    id == response.action + ":" + response.key && exists k :: FirstAt(run, k, response)
  }

  lemma WasFirstLater(run: seq<Request>, q: Request, id: string, response: Response)
    requires WasFirst(run, id, response)
    ensures WasFirst(run + [q], id, response)
  {
    var k :| FirstAt(run, k, response);
    assert (run + [q])[..k] == run[..k];
    assert FirstAt(run + [q], k, response);
  }

  lemma {:induction false} RecordedIsFirst(run: seq<Request>, i: nat)
    requires i < |History(run)|
    ensures WasFirst(run, History(run)[i].0, History(run)[i].1)
  {
    var n := |run| - 1;
    var init, q := run[..n], run[n];
    assert run == init + [q];
    if i < |History(init)| {
      RecordedIsFirst(init, i);
      WasFirstLater(init, q, History(init)[i].0, History(init)[i].1);
    } else {
      var response := History(run)[i].1;
      assert KeyOk(q) && Get(Newest(History(init), CACHE_SIZE), Id(q.action, q.key)).None?;
      assert FirstAt(run, n, response);
    }
  }

  /** A replay repeats the response that the first request under the same identity got. */
  lemma {:induction false} ReplayRepeatsFirst(run: seq<Request>, q: Request, response: Response)
    requires AnswerAfter(run, q) == Ok(Replayed(response))
    ensures WasFirst(run, q.action + ":" + q.key, response)
  {
    ReplayedExactlyWhen(run, q);
    var h := History(run);
    var i :| 0 <= i < |h| && |h| - i <= CACHE_SIZE && h[i].0 == Id(q.action, q.key);
    RecordedIsFirst(run, i);
  }

  /** Among the last 200 records is one for the action and the key. */
  predicate Recent(run: seq<Request>, q: Request) {
    var h := History(run); exists i :: 0 <= i < |h| && i >= |h| - 200 && h[i].0 == q.action + ":" + q.key
  }

  /** Every other answer: a key of 1 to 160 characters is needed, then no recent record, then what the
      provider says, and only a record that can be written makes a first answer. */
  lemma {:induction false} AnsweredExactlyWhen(run: seq<Request>, q: Request)
    ensures AnswerAfter(run, q) == Err(BadKey) <==> q.key == "" || |q.key| > 160
    ensures AnswerAfter(run, q).Ok? && AnswerAfter(run, q).value.Replayed? <==>
      0 < |q.key| <= 160 && Recent(run, q)
    ensures 0 < |q.key| <= 160 && !Recent(run, q) ==>
      && (AnswerAfter(run, q) == Err(RuntimeUnavailable) <==> q.outcome.Unavailable?)
      && (AnswerAfter(run, q) == Err(ProviderFailed) <==> q.outcome.Rejected?)
      && (AnswerAfter(run, q) == Err(NotSaved) <==> q.outcome.Done? && !q.saved)
      && (AnswerAfter(run, q).Ok? <==> q.outcome.Done? && q.saved)
  {
    if KeyOk(q) { ReplayedExactlyWhen(run, q); }
  }
}
