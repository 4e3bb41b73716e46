/** Which stop request counts. */
module StopRequests {
  import opened Wrappers
  import opened TextLaws
  import opened Steering

  /** The first forced request, without one the first request, without any none. */
  predicate IsFirst(stops: seq<Stop>, kept: Option<Stop>) {
    match kept
    case None => stops == []
    case Some(s) =>
      exists i :: 0 <= i < |stops| && stops[i] == s && (forall k :: 0 <= k < i ==> !stops[k].force)
        && (s.force || (i == 0 && forall k :: 0 <= k < |stops| ==> !stops[k].force))
  }

  /** The stop requests for the agent since it entered, in order. */
  function Halts(events: seq<Event>, agent: string): seq<Stop> {
    if events == [] then []
    else
      var last, init := events[|events| - 1], events[..|events| - 1];
      if last == Leave(agent) then []
      else if last.Halt? && last.agent == agent && Present(init, agent) then Halts(init, agent) + [last.stop]
      else Halts(init, agent)
  }

  lemma {:induction false} LatchKeepsFirst(stops: seq<Stop>, kept: Option<Stop>, s: Stop)
    requires IsFirst(stops, kept)
    ensures IsFirst(stops + [s], Latched(kept, s))
  {
    var all := stops + [s];
    if kept.None? {
      assert all[0] == s;
    } else {
      var i :| 0 <= i < |stops| && stops[i] == kept.value && (forall k :: 0 <= k < i ==> !stops[k].force)
        && (kept.value.force || (i == 0 && forall k :: 0 <= k < |stops| ==> !stops[k].force));
      if s.force && !kept.value.force { assert all[|stops|] == s; } else { assert all[i] == kept.value; }
    }
  }

  /** After any run the agent's own request is the first forced one since it entered, without one the first. */
  lemma {:induction false} FirstForceStays(events: seq<Event>, agent: string)
    ensures agent in Run(events) ==> IsFirst(Halts(events, agent), Run(events)[agent].stop)
    ensures agent !in Run(events) ==> Halts(events, agent) == []
  {
    if events != [] {
      var last, init := events[|events| - 1], events[..|events| - 1];
      FirstForceStays(init, agent);
      DeliveryIsExact(init, agent);
      if agent in Run(init) && last.Halt? && last.agent == agent {
        LatchKeepsFirst(Halts(init, agent), Run(init)[agent].stop, last.stop);
      }
    }
  }

  /** The request in force: a forced one before a graceful one, the session's before the agent's own. */
  predicate Outranks(a: Option<Stop>, b: Option<Stop>) {
    a.Some? && (a.value.force || b.None? || !b.value.force)
  }

  lemma EffectiveExactly(session: Option<Stop>, own: Option<Stop>, r: Option<Stop>)
    ensures Effective(session, own) == r <==> r == if Outranks(session, own) then session else own
  {
  }

  // ---- submissions ------------------------------------------------------------

  /** A blank message is refused before an unknown target; nothing else is refused. */
  lemma RefusedExactlyWhen(boxes: Boxes, target: string, message: string)
    ensures Refusal(boxes, target, message) == Some(EmptyMessage) <==> AllSpace(message)
    ensures Refusal(boxes, target, message) == Some(UnknownAgent)
      <==> !AllSpace(message) && target != ALL && target !in boxes
    ensures Refusal(boxes, target, message).None? <==> !AllSpace(message) && (target == ALL || target in boxes)
  {
    BlankExactly(message);
  }

  /** The queues of everybody, or of the one named, get the instruction at their end; nothing else changes. */
  predicate IsQueued(boxes: Boxes, target: string, s: Instruction, after: Boxes) {
    && after.Keys == boxes.Keys
    && forall a :: a in boxes ==>
         && after[a].drained == boxes[a].drained && after[a].stop == boxes[a].stop
         && after[a].pending == boxes[a].pending + if target == ALL || a == target then [s] else []
  }

  lemma SubmittedExactly(boxes: Boxes, target: string, s: Instruction)
    ensures IsQueued(boxes, target, s, Submitted(boxes, target, s))
  {
  }

  /** Everybody for the whole session, else the one agent when it is registered. */
  lemma RecipientsExactly(boxes: Boxes, target: string, agent: string)
    ensures agent in Recipients(boxes, target) <==> agent in boxes && (target == ALL || target == agent)
  {
  }
}
