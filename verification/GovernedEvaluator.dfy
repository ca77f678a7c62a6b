/**
 The evaluator as the sequential program it is: it reads both submissions, looks twice for traces of
 another evaluation, and then writes its four objects in order. It does what the step machine of
 GovernedRelease does when one evaluation runs without interruption.
 */
module GovernedEvaluator {
  import opened Basics
  import opened SlotVectors
  import opened PolicyCircuit
  import opened GovernedRelease
  import opened EvaluationGuarantees

  class Evaluator {
    // the public store
    var inputs: Inputs
    // its clock reading, its provenance, and which attempt it is
    const now: int
    const provenance: int
    const me: nat

    constructor (inputs: Inputs, now: int, provenance: int, me: nat)
      ensures this.inputs == inputs && this.now == now && this.provenance == provenance && this.me == me
    {
      this.inputs, this.now, this.provenance, this.me := inputs, now, provenance, me;
    }

    ghost function At(pc: EvalPc): Evaluation {
      Evaluation(now, provenance, pc)
    }

    /** A whole evaluation: the store and the return are those of the step machine run alone. */
    method EvaluateFixedConflict(c: Case) returns (r: Result<Artifact>)
      modifies this
      ensures Alone(c, old(inputs), At(EvalStart), me, STEPS) == (inputs, At(if r.Ok? then EvalReturned(r.value) else EvalHalted))
      ensures r.Ok? <==> Evaluable(c, old(inputs), now, provenance)
      ensures r.Ok? ==> r.value == ArtifactOf(c, old(inputs), now, provenance) && inputs == Evaluated(c, old(inputs), now, provenance, me)
      ensures r.Err? ==> inputs == old(inputs)
    {
      EvaluationOutcome(c, inputs, now, provenance, me);
      if provenance == 0 {
        return Err;
      }
      if !InWindow(c, now) {
        return Err;
      }
      if inputs.submissionA.None? || inputs.submissionB.None? {
        return Err;
      }
      var subA, subB := inputs.submissionA.value, inputs.submissionB.value;
      if !FreshPair(c, subA, subB, now) {
        return Err;
      }
      if inputs.admission.Some? || inputs.completed.Some? || inputs.ciphertext.Some? || inputs.evaluated.Some? {
        return Err;
      }
      // the second look finds the same when nobody else is running
      assert EvaluationUntouched(inputs);
      inputs := inputs.(admission := Some(EvaluationAdmission(subA, subB, provenance, now)), owner := Some(me));
      inputs := inputs.(executions := inputs.executions + 1);
      var ciphertext := c.recompute(subA.pledge, subB.pledge);
      inputs := inputs.(ciphertext := Some(ciphertext));
      var artifact := Artifact(subA, subB, ciphertext, provenance, now);
      inputs := inputs.(evaluated := Some(artifact));
      inputs := inputs.(completed := Some(EvaluationCompleted(artifact, now)));
      return Ok(artifact);
    }
  }
}
