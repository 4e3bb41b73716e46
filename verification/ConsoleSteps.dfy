/** What a call leaves. */
module ConsoleSteps {
  import opened Wrappers
  import opened Blueprints
  import opened Plans
  import opened ConsoleStates
  import opened ConsoleRuns

  /** A call that saves is one step of a run, and its answer tells which: done, refused or not written. */
  lemma LandsExactly(call: Call, before: Blueprint, stored: Blueprint, write: bool, out: Outcome, after: Blueprint,
                     storedAfter: Blueprint)
    requires Writes(before, call)
    ensures Lands(Spec(before, call), before, stored, write, out, after, storedAfter) <==>
      && Memory(after, storedAfter) == Step(Memory(before, stored), Called(call, write))
      && (out == Done <==> Spec(before, call).Ok? && write)
      && (out == WriteFailed <==> Spec(before, call).Ok? && !write)
      && (forall why :: out == Refused(why) <==> Spec(before, call) == Err(why))
  {
  }

  /** A refused call changes nothing, an accepted one is in memory, and on disk when it is written; while every
      write succeeds memory and disk stay the same. */
  lemma StepExactly(m: Memory, call: Call, write: bool)
    ensures var spec, after := Spec(m.live, call), Step(m, Called(call, write));
      && (spec.Err? ==> after == m)
      && (spec.Ok? ==> after.live == spec.value)
      && (!write ==> after.disk == m.disk)
      && (write && m.live == m.disk ==> after.live == after.disk)
  {
    if !Writes(m.live, call) { QuietChangesNothing(m.live, call); }
  }

  lemma QuietChangesNothing(b: Blueprint, call: Call)
    requires !Writes(b, call)
    ensures Spec(b, call) == Ok(b)
  {
    assert UpdateAssignment(b.plans, call.op.assignment, call.op.status, call.op.now) == Ok(b.plans);
  }
}
