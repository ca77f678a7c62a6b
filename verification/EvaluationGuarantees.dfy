/** What an evaluation that runs alone does: exactly when it finishes, what it leaves behind, and that this can be released. */
module EvaluationGuarantees {
  import opened Basics
  import opened SlotVectors
  import opened BitEncoding
  import opened PolicyCircuit
  import opened GovernedRelease
  import opened ReleaseGuarantees

  // ----- an evaluation that runs alone

  /** The public store and the evaluation after `n` undisturbed steps. */
  function Alone(c: Case, i: Inputs, p: Evaluation, me: nat, n: nat): (Inputs, Evaluation)
    decreases n
  {
    if n == 0 then (i, p)
    else var (i', pc') := EvalStep(c, i, p, me); Alone(c, i', p.(pc := pc'), me, n - 1)
  }

  /** Running alone is one of the runs. */
  lemma {:induction false} AloneIsARun(c: Case, s: State, k: nat, n: nat)
    requires k < |s.evaluations|
    ensures var (i, p) := Alone(c, s.world.inputs, s.evaluations[k], k, n);
            Run(c, s, seq(n, j => RunEvaluation(k))) == WithInputs(s.(evaluations := s.evaluations[k := p]), i)
    decreases n
  {
    if n > 0 {
      var s1 := Apply(c, s, RunEvaluation(k));
      AloneIsARun(c, s1, k, n - 1);
      RunFromFront(c, s, RunEvaluation(k), n - 1);
    } else {
      assert s.evaluations[k := s.evaluations[k]] == s.evaluations;
    }
  }

  lemma {:induction false} One(c: Case, i: Inputs, p: Evaluation, me: nat, n: nat, i': Inputs, pc': EvalPc)
    requires n > 0 && EvalStep(c, i, p, me) == (i', pc')
    ensures Alone(c, i, p, me, n) == Alone(c, i', p.(pc := pc'), me, n - 1)
  {
  }

  lemma {:induction false} Settled(c: Case, i: Inputs, p: Evaluation, me: nat, n: nat)
    requires p.pc.EvalReturned? || p.pc.EvalHalted?
    ensures Alone(c, i, p, me, n) == (i, p)
  {
    if n > 0 {
      Settled(c, i, p, me, n - 1);
    }
  }

  const STEPS := 8

  /** What the public store and the clock must say for an evaluation to go through. */
  predicate Evaluable(c: Case, i: Inputs, now: int, provenance: int) {
    && provenance != 0 && c.created <= now <= c.expires
    && i.submissionA.Some? && i.submissionB.Some?
    && (var a, b := i.submissionA.value, i.submissionB.value;
        && c.genuine(a, true) && c.genuine(b, false) && a.nonce != 0 && b.nonce != 0 && a.nonce != b.nonce
        && now < a.expiresAt <= c.expires && now < b.expiresAt <= c.expires)
    && i.admission.None? && i.ciphertext.None? && i.evaluated.None? && i.completed.None?
  }

  /** The artifact of an evaluation: both submissions, the circuit on their pledges, whose it is and when. */
  function ArtifactOf(c: Case, i: Inputs, now: int, provenance: int): Artifact
    requires i.submissionA.Some? && i.submissionB.Some?
  {
    var a, b := i.submissionA.value, i.submissionB.value;
    Artifact(a, b, c.recompute(a.pledge, b.pledge), provenance, now)
  }

  /** The public store after an evaluation that won its admission and wrote everything. */
  function Evaluated(c: Case, i: Inputs, now: int, provenance: int, me: nat): Inputs
    requires i.submissionA.Some? && i.submissionB.Some?
  {
    var art := ArtifactOf(c, i, now, provenance);
    Inputs(i.submissionA, i.submissionB,
           Some(EvaluationAdmission(i.submissionA.value, i.submissionB.value, provenance, now)),
           Some(art.ciphertext), Some(art), Some(EvaluationCompleted(art, now)), Some(me), i.executions + 1)
  }

  /** The admitted part: nobody interferes, so every create succeeds. */
  lemma {:induction false} AdmittedFinishes(c: Case, i: Inputs, p: Evaluation, me: nat, n: nat)
    requires Evaluable(c, i, p.now, p.provenance) && n >= 5
    requires p.pc == EvalAdmit(i.submissionA.value, i.submissionB.value)
    ensures Alone(c, i, p, me, n) ==
            (Evaluated(c, i, p.now, p.provenance, me), p.(pc := EvalReturned(ArtifactOf(c, i, p.now, p.provenance))))
  {
    var a, b, art := i.submissionA.value, i.submissionB.value, ArtifactOf(c, i, p.now, p.provenance);
    var i1 := i.(admission := Some(EvaluationAdmission(a, b, p.provenance, p.now)), owner := Some(me));
    var i2 := i1.(executions := i1.executions + 1);
    var i3 := i2.(ciphertext := Some(art.ciphertext));
    var i4 := i3.(evaluated := Some(art));
    var i5 := i4.(completed := Some(EvaluationCompleted(art, p.now)));
    One(c, i, p, me, n, i1, EvalCompute(a, b));
    One(c, i1, p.(pc := EvalCompute(a, b)), me, n - 1, i2, EvalStoreResult(a, b, art.ciphertext));
    One(c, i2, p.(pc := EvalStoreResult(a, b, art.ciphertext)), me, n - 2, i3, EvalStoreArtifact(a, b, art.ciphertext));
    One(c, i3, p.(pc := EvalStoreArtifact(a, b, art.ciphertext)), me, n - 3, i4, EvalComplete(art));
    One(c, i4, p.(pc := EvalComplete(art)), me, n - 4, i5, EvalReturned(art));
    Settled(c, i5, p.(pc := EvalReturned(art)), me, n - 5);
  }

  /** An undisturbed evaluation of any public store: it finishes when evaluable, and otherwise halts and writes nothing. */
  lemma {:induction false} EvaluationOutcome(c: Case, i: Inputs, now: int, provenance: int, me: nat)
    ensures var p := Evaluation(now, provenance, EvalStart);
            Alone(c, i, p, me, STEPS) ==
            if Evaluable(c, i, now, provenance)
            then (Evaluated(c, i, now, provenance, me), p.(pc := EvalReturned(ArtifactOf(c, i, now, provenance))))
            else (i, p.(pc := EvalHalted))
  {
    var p := Evaluation(now, provenance, EvalStart);
    if !(provenance != 0 && InWindow(c, now) && i.submissionA.Some? && i.submissionB.Some? &&
         FreshPair(c, i.submissionA.value, i.submissionB.value, now)) {
      One(c, i, p, me, STEPS, i, EvalHalted);
      Settled(c, i, p.(pc := EvalHalted), me, STEPS - 1);
      return;
    }
    var a, b := i.submissionA.value, i.submissionB.value;
    One(c, i, p, me, STEPS, i, EvalTest(a, b));
    if !EvaluationUntouched(i) {
      One(c, i, p.(pc := EvalTest(a, b)), me, STEPS - 1, i, EvalHalted);
      Settled(c, i, p.(pc := EvalHalted), me, STEPS - 2);
      return;
    }
    One(c, i, p.(pc := EvalTest(a, b)), me, STEPS - 1, i, EvalRetest(a, b));
    One(c, i, p.(pc := EvalRetest(a, b)), me, STEPS - 2, i, EvalAdmit(a, b));
    AdmittedFinishes(c, i, p.(pc := EvalAdmit(a, b)), me, STEPS - 3);
  }

  /** What every reader of the public store will check, and find. */
  lemma {:induction false} EvaluatedIsValid(c: Case, i: Inputs, now: int, provenance: int, me: nat)
    requires ValidCase(c) && Evaluable(c, i, now, provenance)
    ensures var art := ArtifactOf(c, i, now, provenance);
            Evaluated(c, i, now, provenance, me).evaluated == Some(art) && ArtifactValid(Evaluated(c, i, now, provenance, me), art)
  {
  }

  /**
   Exactly when an undisturbed evaluation finishes, in every reachable state, and what it leaves. It returns if and
   only if it has a provenance, the clock is in the case window, both submissions are there, verify, are live, within the
   case and under two different nonces, and nothing was evaluated yet; otherwise it halts and the state is as it was. A finished
   evaluation leaves a valid artifact of both submissions with the recomputable ciphertext, its provenance and its time.
   */
  lemma {:induction false} LoneEvaluationExact(c: Case, before: seq<Action>, now: int, provenance: int)
    requires ValidCase(c)
    ensures var s, me := Reached(c, before), |Reached(c, before).evaluations|;
            var s' := Run(c, Apply(c, s, StartEvaluation(now, provenance)), seq(STEPS, j => RunEvaluation(me)));
            var i, i' := s.world.inputs, s'.world.inputs;
            && |s'.evaluations| == me + 1
            && (s'.evaluations[me].pc.EvalReturned? <==> Evaluable(c, i, now, provenance))
            && (s'.evaluations[me].pc.EvalHalted? <==> !Evaluable(c, i, now, provenance))
            && s'.releases == s.releases && s'.world.recomputation == s.world.recomputation && s'.world.release == s.world.release
            && (!Evaluable(c, i, now, provenance) ==> i' == i)
            && (Evaluable(c, i, now, provenance) ==>
                  var art := s'.evaluations[me].pc.art;
                  && art.subA == i.submissionA.value && art.subB == i.submissionB.value
                  && art.ciphertext == c.recompute(art.subA.pledge, art.subB.pledge)
                  && art.provenance == provenance && art.evaluatedAt == now
                  && i'.submissionA == i.submissionA && i'.submissionB == i.submissionB
                  && i'.evaluated == Some(art) && ArtifactValid(i', art) && i'.executions == 1)
  {
    ReachedInv(c, before);
    var s, me := Reached(c, before), |Reached(c, before).evaluations|;
    var s1 := Apply(c, s, StartEvaluation(now, provenance));
    AloneIsARun(c, s1, me, STEPS);
    EvaluationOutcome(c, s.world.inputs, now, provenance, me);
    if Evaluable(c, s.world.inputs, now, provenance) {
      EvaluatedIsValid(c, s.world.inputs, now, provenance, me);
      assert s.world.inputs.owner.None?;
    }
  }

  // ----- an evaluation, then a release

  lemma {:induction false} RunJoins(c: Case, s: State, before: seq<Action>, after: seq<Action>)
    ensures Run(c, s, before + after) == Run(c, Run(c, s, before), after)
  {
    if after == [] {
      assert before + after == before;
    } else {
      var n := |after| - 1;
      RunJoins(c, s, before, after[..n]);
      assert (before + after)[..|before + after| - 1] == before + after[..n];
    }
  }

  /** The schedule of one evaluation that runs alone, as the newest. */
  function EvaluationRun(now: int, provenance: int, me: nat): seq<Action> {
    [StartEvaluation(now, provenance)] + seq(STEPS, j => RunEvaluation(me))
  }

  lemma {:induction false} EvaluationRunIs(c: Case, before: seq<Action>, now: int, provenance: int, me: nat)
    ensures Reached(c, before + EvaluationRun(now, provenance, me)) ==
            Run(c, Apply(c, Reached(c, before), StartEvaluation(now, provenance)), seq(STEPS, j => RunEvaluation(me)))
  {
    var first := [StartEvaluation(now, provenance)];
    RunJoins(c, INITIAL, before, EvaluationRun(now, provenance, me));
    RunJoins(c, Reached(c, before), first, seq(STEPS, j => RunEvaluation(me)));
    assert first[..0] == [];
    assert Run(c, Reached(c, before), first) == Apply(c, Run(c, Reached(c, before), []), first[0]);
  }

  /** Nothing can have been recomputed or released before there is an evaluated artifact. */
  lemma {:induction false} NothingBeforeEvaluation(c: Case, w: World)
    requires WorldInv(c, w) && w.inputs.evaluated.None?
    ensures w.recomputation.admission.None? && w.recomputation.mismatch.None? && w.recomputation.verified.None?
    ensures w.release.admission.None? && w.release.retained.None?
  {
  }

  /** When the artifact of a finished evaluation can be released: conditions on the clock, the gate and the output vector. */
  ghost predicate Due(c: Case, art: Artifact, at: int, releaser: int) {
    && releaser != 0 && c.created <= at && at < art.subA.expiresAt && at < art.subB.expiresAt && c.enrolled(art.subA, art.subB, at)
    && art.ciphertext.slots[0] <= 1 && forall k :: 0 < k < SLOTS ==> art.ciphertext.slots[k] == 0
  }

  /**
   What an honest evaluator is for: after an undisturbed evaluation, from any reachable state, an undisturbed release
   delivers the evaluated bit exactly when it is due, and halts otherwise.
   */
  lemma {:induction false} EvaluatedIsReleased(c: Case, before: seq<Action>, now: int, provenance: int, at: int, releaser: int)
    requires ValidCase(c) && Evaluable(c, Reached(c, before).world.inputs, now, provenance)
    ensures var s, me := Reached(c, before), |Reached(c, before).evaluations|;
            var s', art := Reached(c, before + EvaluationRun(now, provenance, me)), ArtifactOf(c, s.world.inputs, now, provenance);
            var p := Process(at, releaser, Start(art));
            if Due(c, art, at, releaser) then Delivered(c, s'.world, p, |s'.releases|, LONGEST, art, art.ciphertext)
            else Halts(c, s'.world, p, |s'.releases|, LONGEST)
  {
    ReachedInv(c, before);
    var s, me := Reached(c, before), |Reached(c, before).evaluations|;
    var art := ArtifactOf(c, s.world.inputs, now, provenance);
    NothingBeforeEvaluation(c, s.world);
    LoneEvaluationExact(c, before, now, provenance);
    EvaluationRunIs(c, before, now, provenance, me);
    var after := before + EvaluationRun(now, provenance, me);
    LoneReleaseExact(c, after, at, releaser, art);
    var s' := Reached(c, after);
    assert s'.world.inputs.evaluated == Some(art);
    assert releaser != 0 && Releasable(c, s'.world, at) <==> Due(c, art, at, releaser);
  }

  /** And for participants that encrypted their pledges, in time and enrolled, that bit is the plain policy's answer. */
  lemma {:induction false} EvaluatedPledgesAreDecided(
      c: Case, before: seq<Action>, now: int, provenance: int, at: int, releaser: int, a: Pledge, b: Pledge)
    requires ValidCase(c) && RunsPolicyCircuit(c) && Evaluable(c, Reached(c, before).world.inputs, now, provenance)
    requires var i := Reached(c, before).world.inputs; i.submissionA.value.pledge == Encode(a) && i.submissionB.value.pledge == Encode(b)
    requires var i := Reached(c, before).world.inputs;
             && releaser != 0 && c.created <= at && at < i.submissionA.value.expiresAt && at < i.submissionB.value.expiresAt
             && c.enrolled(i.submissionA.value, i.submissionB.value, at)
    ensures var s, me := Reached(c, before), |Reached(c, before).evaluations|;
            var s' := Reached(c, before + EvaluationRun(now, provenance, me));
            var p := Process(at, releaser, Start(ArtifactOf(c, s.world.inputs, now, provenance)));
            var (w, p') := ReleaseGuarantees.Alone(c, s'.world, p, |s'.releases|, LONGEST);
            && p'.pc.Returned? && p'.pc.res.conflict == PlainConflict(a, b)
            && w.release.published == w.release.retained == Some(p'.pc.res)
  {
    EvaluatedIsReleased(c, before, now, provenance, at, releaser);
    CircuitDecidesPolicy(a, b);
    HonestPledgesAreCanonical(c, a, b);
  }
}
