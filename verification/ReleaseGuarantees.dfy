/** What the governed release promises over every run, and exactly when an attempt succeeds. */
module ReleaseGuarantees {
  import opened Basics
  import opened SlotVectors
  import opened BitEncoding
  import opened PolicyCircuit
  import opened GovernedRelease

  ghost function Reached(c: Case, actions: seq<Action>): State {
    Run(c, INITIAL, actions)
  }

  lemma {:induction false} ReachedInv(c: Case, actions: seq<Action>)
    requires ValidCase(c)
    ensures Inv(c, Reached(c, actions))
  {
    InitialInv(c);
    RunKeeps(c, INITIAL, actions);
  }

  // ----- safety

  /**
   Over every interleaving with crashes anywhere: at most one evaluation, one recomputation, one
   decryption and one signature; and every successful return, from whichever attempt, carries the
   very bytes that are public.
   */
  lemma {:induction false} AtMostOnce(c: Case, actions: seq<Action>)
    requires ValidCase(c)
    ensures var s := Reached(c, actions);
            && s.world.inputs.executions <= 1 && s.world.recomputation.executions <= 1
            && s.world.release.decryptions <= 1 && s.world.release.signatures <= 1
            && forall k :: 0 <= k < |s.releases| && s.releases[k].pc.Returned? ==>
                 s.world.release.published == Some(s.releases[k].pc.res)
  {
    ReachedInv(c, actions);
    var s := Reached(c, actions);
    forall k | 0 <= k < |s.releases| && s.releases[k].pc.Returned?
      ensures s.world.release.published == Some(s.releases[k].pc.res)
    {
      assert ProcessInv(c, s.world, s.releases[k], k);
    }
  }

  /** Once admitted, retained, published or consumed, a record is the same in every later state. */
  lemma {:induction false} RecordsAreFinal(c: Case, before: seq<Action>, after: seq<Action>)
    requires ValidCase(c)
    ensures Grows(Reached(c, before).world, Run(c, Reached(c, before), after).world)
  {
    ReachedInv(c, before);
    RunKeeps(c, Reached(c, before), after);
  }

  /** A recorded mismatch is for ever: no verified record, no admission, no decryption, nothing public; and it is never recorded against an honest evaluator. */
  lemma {:induction false} MismatchIsFinal(c: Case, before: seq<Action>, after: seq<Action>)
    requires ValidCase(c) && Reached(c, before).world.recomputation.mismatch.Some?
    ensures var w := Run(c, Reached(c, before), after).world;
            && w.recomputation.mismatch == Reached(c, before).world.recomputation.mismatch
            && w.recomputation.verified.None? && w.release.admission.None?
            && w.release.decryptions == 0 && w.release.signatures == 0 && w.release.published.None?
            && (var m := w.recomputation.mismatch.value;
                m.recomputed == c.recompute(m.artifact.subA.pledge, m.artifact.subB.pledge) != m.artifact.ciphertext)
  {
    ReachedInv(c, before);
    RunKeeps(c, Reached(c, before), after);
  }

  /** The state after an admitted release died before it retained a result. */
  ghost predicate Stuck(s: State) {
    var l := s.world.release;
    && l.admission.Some? && l.retained.None? && l.owner.Some?
    && l.owner.value < |s.releases| && s.releases[l.owner.value].pc.Halted?
  }

  lemma {:induction false} StuckStep(c: Case, s: State, a: Action)
    requires ValidCase(c) && Inv(c, s) && Stuck(s)
    ensures Stuck(Apply(c, s, a)) && Apply(c, s, a).world.release.signatures == s.world.release.signatures
    ensures Apply(c, s, a).world.release.decryptions == s.world.release.decryptions
  {
    if a.RunRelease? && a.who < |s.releases| {
      assert ProcessInv(c, s.world, s.releases[a.who], a.who);
      StepGood(c, s.world, s.releases[a.who], a.who);
    }
  }

  /** A release that dies between its admission and its retained result never produces a signature or a result, whatever runs afterwards. */
  lemma {:induction false} DeadEndIsFinal(c: Case, s: State, after: seq<Action>)
    requires ValidCase(c) && Inv(c, s) && Stuck(s)
    ensures var s' := Run(c, s, after);
            && s'.world.release.signatures == s.world.release.signatures
            && s'.world.release.decryptions == s.world.release.decryptions
            && s'.world.release.retained.None? && s'.world.release.published.None?
            && (forall k :: 0 <= k < |s'.releases| ==> !s'.releases[k].pc.Returned?)
    ensures Stuck(Run(c, s, after)) && Inv(c, Run(c, s, after))
  {
    RunKeeps(c, s, after);
    if after != [] {
      var n := |after| - 1;
      DeadEndIsFinal(c, s, after[..n]);
      StuckStep(c, Run(c, s, after[..n]), after[n]);
    }
    var s' := Run(c, s, after);
    forall k | 0 <= k < |s'.releases|
      ensures !s'.releases[k].pc.Returned?
    {
      assert ProcessInv(c, s'.world, s'.releases[k], k);
    }
  }

  /**
   The state after an admitted recomputation ended without a verdict: its process crashed, or the enrollments it
   checked after the admission were refused.
   */
  ghost predicate Unverified(s: State) {
    var r := s.world.recomputation;
    && r.admission.Some? && r.mismatch.None? && r.verified.None?
    && r.owner.Some? && r.owner.value < |s.releases| && s.releases[r.owner.value].pc.Halted?
  }

  lemma {:induction false} UnverifiedStep(c: Case, s: State, a: Action)
    requires ValidCase(c) && Inv(c, s) && Unverified(s)
    ensures Unverified(Apply(c, s, a))
  {
    if a.RunRelease? && a.who < |s.releases| {
      assert ProcessInv(c, s.world, s.releases[a.who], a.who);
      StepGood(c, s.world, s.releases[a.who], a.who);
    }
  }

  /**
   Such a case is over: no later run records a verdict, admits a release, decrypts, signs or publishes anything, and
   no attempt ever returns. In particular a refusal by the enrollment gate is final, because it follows the admission.
   */
  lemma {:induction false} UnverifiedIsFinal(c: Case, s: State, after: seq<Action>)
    requires ValidCase(c) && Inv(c, s) && Unverified(s)
    ensures var s' := Run(c, s, after);
            && s'.world.recomputation.verified.None? && s'.world.recomputation.mismatch.None?
            && s'.world.release.admission.None? && s'.world.release.published.None?
            && s'.world.release.decryptions == s'.world.release.signatures == 0
            && (forall k :: 0 <= k < |s'.releases| ==> !s'.releases[k].pc.Returned?)
    ensures Unverified(Run(c, s, after)) && Inv(c, Run(c, s, after))
  {
    RunKeeps(c, s, after);
    if after != [] {
      var n := |after| - 1;
      UnverifiedIsFinal(c, s, after[..n]);
      UnverifiedStep(c, Run(c, s, after[..n]), after[n]);
    }
    var s' := Run(c, s, after);
    forall k | 0 <= k < |s'.releases|
      ensures !s'.releases[k].pc.Returned?
    {
      assert ProcessInv(c, s'.world, s'.releases[k], k);
    }
  }

  // ----- what the readers of stored objects accept, whatever the stores hold

  /**
   The evaluated artifact: it has a provenance and a time, is of the two stored submissions, carries the stored
   ciphertext, and both evaluation records are there, dated, and about it.
   */
  lemma {:induction false} ArtifactReadExactly(i: Inputs, a: Artifact)
    ensures ArtifactValid(i, a) <==>
              && a.evaluatedAt > 0 && a.provenance != 0 && i.submissionA == Some(a.subA) && i.submissionB == Some(a.subB)
              && i.ciphertext == Some(a.ciphertext) && i.admission.Some? && i.completed.Some?
              && i.admission.value == EvaluationAdmission(a.subA, a.subB, a.provenance, i.admission.value.admittedAt)
              && i.admission.value.admittedAt > 0 && i.completed.value.artifact == a && i.completed.value.completedAt > 0
  {
  }

  /**
   A retained result is served again exactly when it is of this artifact and its ciphertext, dated, with a provenance and
   signed by the case's authority, and when recomputation and release were admitted for this artifact and the verified
   record and the kept recomputed ciphertext are that ciphertext; nothing is written on the way.
   */
  lemma {:induction false} RetryReadExactly(c: Case, w: World, now: int, provenance: int, me: nat, a: Artifact)
    ensures var l, r := w.release, w.recomputation;
            var (w', pc') := Step(c, w, Process(now, provenance, Retry(a, RetryLoad)), me);
            var ok := l.retained.Some? && l.admission.Some? && r.admission.Some? && r.verified.Some? &&
                      (var res, v, d := l.retained.value, r.verified.value, r.admission.value;
                       && res.artifact == a && res.ciphertext == a.ciphertext && res.releasedAt > 0 && res.provenance != 0 && res.signer == c.authority
                       && d == RecomputeAdmission(a, a.subA, a.subB, d.admittedAt) && d.admittedAt > 0
                       && v == Verified(a, a.ciphertext, v.verifiedAt) && v.verifiedAt > 0 && r.ciphertext == Some(a.ciphertext)
                       && l.admission.value.artifact == a && l.admission.value.admittedAt > 0);
            w' == w && pc' == if ok then Retry(a, RetryPublicTest(l.retained.value)) else Halted
  {
  }

  // ----- an attempt that runs alone

  /** The stores and the process after `n` undisturbed steps. */
  ghost function Alone(c: Case, w: World, p: Process, me: nat, n: nat): (World, Process)
    decreases n
  {
    if n == 0 then (w, p)
    else var (w', pc') := Step(c, w, p, me); Alone(c, w', p.(pc := pc'), me, n - 1)
  }

  /** Running alone is one of the runs: the schedule gives every step to the newest process. */
  lemma {:induction false} AloneIsARun(c: Case, s: State, k: nat, n: nat)
    requires k < |s.releases|
    ensures var (w, p) := Alone(c, s.world, s.releases[k], k, n);
            Run(c, s, seq(n, i => RunRelease(k))) == s.(world := w, releases := s.releases[k := p])
    decreases n
  {
    if n > 0 {
      var s1 := Apply(c, s, RunRelease(k));
      StepIsARun(c, s, k);
      AloneIsARun(c, s1, k, n - 1);
      RunFromFront(c, s, RunRelease(k), n - 1);
      assert Alone(c, s.world, s.releases[k], k, n) == Alone(c, s1.world, s1.releases[k], k, n - 1);
    } else {
      assert s.(world := s.world, releases := s.releases[k := s.releases[k]]) == s;
    }
  }

  lemma {:induction false} StepIsARun(c: Case, s: State, k: nat)
    requires k < |s.releases|
    ensures var (w', pc') := Step(c, s.world, s.releases[k], k);
            Apply(c, s, RunRelease(k)) == s.(world := w', releases := s.releases[k := s.releases[k].(pc := pc')])
  {
  }

  lemma {:induction false} RunFromFront(c: Case, s: State, a: Action, n: nat)
    ensures Run(c, Apply(c, s, a), seq(n, i => a)) == Run(c, s, seq(n + 1, i => a))
  {
    var whole := seq(n + 1, i => a);
    if n == 0 {
      assert whole == [a];
      assert whole[..0] == [];
    } else {
      RunFromFront(c, s, a, n - 1);
      assert whole[..n] == seq(n, i => a);
      assert seq(n, i => a)[..n - 1] == seq(n - 1, i => a);
    }
  }

  /** What the stores must say for a lone attempt to return: a retained result, or a clear road to one. */
  ghost predicate Releasable(c: Case, w: World, now: int) {
    var r, l := w.recomputation, w.release;
    && InWindow(c, now) && w.inputs.evaluated.Some? && ArtifactValid(w.inputs, w.inputs.evaluated.value)
    && (l.retained.Some? ||
        var a := w.inputs.evaluated.value;
        && l.admission.None?
        && FreshPair(c, a.subA, a.subB, now)
        && r.mismatch.None?
        && (r.verified.Some? || (r.admission.None? && c.enrolled(a.subA, a.subB, now) && Recomputed(c, a) == a.ciphertext))
        && Canonical(Recomputed(c, a)))
  }

  const LONGEST := 21

  /** The process does not move once it has returned or halted. */
  lemma {:induction false} Settled(c: Case, w: World, p: Process, me: nat, n: nat)
    requires p.pc.Returned? || p.pc.Halted?
    ensures Alone(c, w, p, me, n) == (w, p)
  {
    if n > 0 {
      Settled(c, w, p, me, n - 1);
    }
  }

  /** The retry path: from the retained result to the return, in at most six steps. */
  lemma {:induction false} RetryReturns(c: Case, w: World, p: Process, me: nat, n: nat)
    requires ValidCase(c) && WorldInv(c, w) && ProcessInv(c, w, p, me)
    requires p.pc.Retry? && p.pc.at.RetryTest? && w.release.retained.Some? && n >= 6
    ensures var (w', p') := Alone(c, w, p, me, n);
            p'.pc == Returned(w.release.retained.value) && w'.release.published == w.release.retained && w'.release.consumed.Some?
  {
    var art, res := p.pc.art, w.release.retained.value;
    assert art == res.artifact == w.recomputation.verified.value.artifact;
    var p2 := p.(pc := Retry(art, RetryPublicTest(res)));
    assert Alone(c, w, p, me, n) == Alone(c, w, p2, me, n - 2) by {
      var p1 := p.(pc := Retry(art, RetryLoad));
      assert Alone(c, w, p, me, n) == Alone(c, w, p1, me, n - 1);
      assert Step(c, w, p1, me) == (w, p2.pc);
    }
    RetryFinishes(c, w, p2, me, n - 2);
  }

  lemma {:induction false} RetryFinishes(c: Case, w: World, p: Process, me: nat, n: nat)
    requires ValidCase(c) && WorldInv(c, w) && ProcessInv(c, w, p, me)
    requires p.pc.Retry? && p.pc.at.RetryPublicTest? && n >= 4
    ensures var (w', p') := Alone(c, w, p, me, n);
            p'.pc == Returned(p.pc.at.res) && w'.release.published == Some(p.pc.at.res) && w'.release.consumed.Some?
  {
    var art, res := p.pc.art, p.pc.at.res;
    var q := p.(pc := Retry(art, RetryConsumedTest(res)));
    if w.release.published.None? {
      var p1 := p.(pc := Retry(art, RetryPublish(res)));
      var w1 := w.(release := w.release.(published := Some(res)));
      assert Alone(c, w, p, me, n) == Alone(c, w, p1, me, n - 1);
      assert Alone(c, w, p1, me, n - 1) == Alone(c, w1, q, me, n - 2);
      RetryConsumes(c, w1, q, me, n - 2);
    } else {
      assert Alone(c, w, p, me, n) == Alone(c, w, q, me, n - 1);
      RetryConsumes(c, w, q, me, n - 1);
    }
  }

  lemma {:induction false} RetryConsumes(c: Case, w: World, p: Process, me: nat, n: nat)
    requires p.pc.Retry? && p.pc.at.RetryConsumedTest? && n >= 2
    requires w.release.published == Some(p.pc.at.res)
    requires w.release.consumed.Some? ==>
      var d := w.release.consumed.value; d.artifact == p.pc.art && d.result == p.pc.at.res && d.consumedAt > 0
    ensures var (w', p') := Alone(c, w, p, me, n);
            p'.pc == Returned(p.pc.at.res) && w'.release.published == Some(p.pc.at.res) && w'.release.consumed.Some?
  {
    var art, res := p.pc.art, p.pc.at.res;
    if w.release.consumed.None? {
      var p1 := p.(pc := Retry(art, RetryConsume(res)));
      var w1 := w.(release := w.release.(consumed := Some(Consumed(art, res, p.now))));
      assert Alone(c, w, p, me, n) == Alone(c, w, p1, me, n - 1);
      assert Alone(c, w, p1, me, n - 1) == Alone(c, w1, p.(pc := Returned(res)), me, n - 2);
      Settled(c, w1, p.(pc := Returned(res)), me, n - 2);
    } else {
      assert Alone(c, w, p, me, n) == Alone(c, w, p.(pc := Returned(res)), me, n - 1);
      Settled(c, w, p.(pc := Returned(res)), me, n - 1);
    }
  }

  /**
   Recovery is total: wherever an earlier release crashed after retaining its result, one more
   attempt inside the case window returns those retained bytes, public and consumed.
   */
  lemma {:induction false} CrashedReleaseRecovers(c: Case, before: seq<Action>, now: int, provenance: int)
    requires ValidCase(c) && InWindow(c, now) && provenance != 0 && Reached(c, before).world.release.retained.Some?
    ensures var s := Reached(c, before);
            var res := s.world.release.retained.value;
            var s1 := Apply(c, s, StartRelease(now, provenance, res.artifact));
            var s2 := Run(c, s1, seq(7, i => RunRelease(|s.releases|)));
            && |s2.releases| == |s.releases| + 1 && s2.releases[|s.releases|].pc == Returned(res)
            && s2.world.release.published == Some(res) && s2.world.release.consumed.Some?
  {
    ReachedInv(c, before);
    var s := Reached(c, before);
    var res := s.world.release.retained.value;
    var a := StartRelease(now, provenance, res.artifact);
    ApplyKeeps(c, s, a);
    var s1 := Apply(c, s, a);
    var k := |s.releases|;
    AloneIsARun(c, s1, k, 7);
    var p := s1.releases[k];
    assert Step(c, s1.world, p, k) == (s1.world, Retry(res.artifact, RetryTest));
    RetryReturns(c, s1.world, p.(pc := Retry(res.artifact, RetryTest)), k, 6);
  }

  lemma {:induction false} One(c: Case, w: World, p: Process, me: nat, n: nat, w': World, pc': Pc)
    requires n > 0 && Step(c, w, p, me) == (w', pc')
    ensures Alone(c, w, p, me, n) == Alone(c, w', p.(pc := pc'), me, n - 1)
  {
  }

  /** `n` more steps end in a halt. */
  ghost predicate Halts(c: Case, w: World, p: Process, me: nat, n: nat) {
    Alone(c, w, p, me, n).1.pc.Halted?
  }

  ghost predicate Returns(c: Case, w: World, p: Process, me: nat, n: nat) {
    Alone(c, w, p, me, n).1.pc.Returned?
  }

  /**
   A first release of `art` that went through: the process returned the result of its own clock and provenance under
   the case's authority, and the same result is retained, public and consumed, after one more decryption and signature.
   */
  ghost predicate Delivered(c: Case, w: World, p: Process, me: nat, n: nat, art: Artifact, ct: Cipher) {
    var (w', p') := Alone(c, w, p, me, n);
    var res := GovernedResult(art, ct, ct.slots[0] == 1, p.now, p.provenance, c.authority);
    && p'.pc == Returned(res) && w'.inputs == w.inputs
    && w'.release == ReleaseRecords(
         Some(ReleaseAdmission(art, p.now)), Some(res), Some(res), Some(Consumed(art, res, p.now)), Some(me),
         w.release.decryptions + 1, w.release.signatures + 1)
  }

  /** From a free admission the release goes through exactly when the ciphertext decodes to one Boolean. */
  lemma {:induction false} AdmittedOutcome(c: Case, w: World, p: Process, me: nat, n: nat)
    requires p.pc.Release? && p.pc.on.AdmitRelease? && n >= 6
    requires w.release.admission.None? && w.release.retained.None? && w.release.published.None? && w.release.consumed.None?
    ensures Returns(c, w, p, me, n) <==> Canonical(p.pc.on.ct)
    ensures Canonical(p.pc.on.ct) ==> Delivered(c, w, p, me, n, p.pc.art, p.pc.on.ct)
    ensures Halts(c, w, p, me, n) <==> !Canonical(p.pc.on.ct)
  {
    var art, ct := p.pc.art, p.pc.on.ct;
    var l1 := w.release.(admission := Some(ReleaseAdmission(art, p.now)), owner := Some(me));
    var w1 := w.(release := l1);
    One(c, w, p, me, n, w1, Release(art, Decrypt(ct)));
    var p1 := p.(pc := Release(art, Decrypt(ct)));
    var w2 := w.(release := l1.(decryptions := l1.decryptions + 1));
    if Canonical(ct) {
      SignedOutcome(c, w1, p1, me, n - 1);
    } else {
      One(c, w1, p1, me, n - 1, w2, Halted);
      Settled(c, w2, p.(pc := Halted), me, n - 2);
    }
  }

  lemma {:induction false} SignedOutcome(c: Case, w: World, p: Process, me: nat, n: nat)
    requires p.pc.Release? && p.pc.on.Decrypt? && Canonical(p.pc.on.ct) && n >= 5
    requires w.release.admission == Some(ReleaseAdmission(p.pc.art, p.now)) && w.release.owner == Some(me)
    requires w.release.retained.None? && w.release.published.None? && w.release.consumed.None?
    ensures Delivered(c, w, p, me, n, p.pc.art, p.pc.on.ct)
  {
    var art, ct, l := p.pc.art, p.pc.on.ct, w.release;
    var bit := ct.slots[0] == 1;
    var res := GovernedResult(art, ct, bit, p.now, p.provenance, c.authority);
    var l2 := l.(decryptions := l.decryptions + 1);
    var l3 := l2.(signatures := l2.signatures + 1);
    var l4 := l3.(retained := Some(res));
    var l5 := l4.(published := Some(res));
    var l6 := l5.(consumed := Some(Consumed(art, res, p.now)));
    One(c, w, p, me, n, w.(release := l2), Release(art, Sign(ct, bit)));
    One(c, w.(release := l2), p.(pc := Release(art, Sign(ct, bit))), me, n - 1, w.(release := l3), Release(art, Retain(res)));
    One(c, w.(release := l3), p.(pc := Release(art, Retain(res))), me, n - 2, w.(release := l4), Release(art, Publish(res)));
    One(c, w.(release := l4), p.(pc := Release(art, Publish(res))), me, n - 3, w.(release := l5), Release(art, Consume(res)));
    One(c, w.(release := l5), p.(pc := Release(art, Consume(res))), me, n - 4, w.(release := l6), Returned(res));
    Settled(c, w.(release := l6), p.(pc := Returned(res)), me, n - 5);
  }

  /** From an untouched recomputation: verified exactly when the evaluator's ciphertext is the recomputed one. */
  lemma {:induction false} RecomputedOutcome(c: Case, w: World, p: Process, me: nat, n: nat)
    requires p.pc.Prepare? && p.pc.inside.RecomputeTest? && n >= 14
    requires w.recomputation.mismatch.None? && w.recomputation.verified.None?
    requires w.recomputation.admission.None? ==> w.recomputation.ciphertext.None?
    requires w.release.admission.None? && w.release.retained.None? && w.release.published.None? && w.release.consumed.None?
    ensures var ok := w.recomputation.admission.None? && c.enrolled(p.pc.art.subA, p.pc.art.subB, p.now) &&
                      Recomputed(c, p.pc.art) == p.pc.art.ciphertext && Canonical(Recomputed(c, p.pc.art));
            && (Returns(c, w, p, me, n) <==> ok) && (Halts(c, w, p, me, n) <==> !ok)
            && (ok ==> Delivered(c, w, p, me, n, p.pc.art, p.pc.art.ciphertext))
  {
    var art, r := p.pc.art, w.recomputation;
    if r.admission.Some? {
      One(c, w, p, me, n, w, Halted);
      Settled(c, w, p.(pc := Halted), me, n - 1);
    } else {
      One(c, w, p, me, n, w, Prepare(art, MismatchRetest));
      One(c, w, p.(pc := Prepare(art, MismatchRetest)), me, n - 1, w, Prepare(art, VerifiedRetest));
      One(c, w, p.(pc := Prepare(art, VerifiedRetest)), me, n - 2, w, Prepare(art, RecomputeRetest));
      One(c, w, p.(pc := Prepare(art, RecomputeRetest)), me, n - 3, w, Prepare(art, AdmitRecompute));
      RecomputeRuns(c, w, p.(pc := Prepare(art, AdmitRecompute)), me, n - 4);
    }
  }

  lemma {:induction false} RecomputeRuns(c: Case, w: World, p: Process, me: nat, n: nat)
    requires p.pc.Prepare? && p.pc.inside.AdmitRecompute? && n >= 10
    requires w.recomputation.mismatch.None? && w.recomputation.verified.None?
    requires w.recomputation.admission.None? && w.recomputation.ciphertext.None?
    requires w.release.admission.None? && w.release.retained.None? && w.release.published.None? && w.release.consumed.None?
    ensures var ok := c.enrolled(p.pc.art.subA, p.pc.art.subB, p.now) &&
                      Recomputed(c, p.pc.art) == p.pc.art.ciphertext && Canonical(Recomputed(c, p.pc.art));
            && (Returns(c, w, p, me, n) <==> ok) && (Halts(c, w, p, me, n) <==> !ok)
            && (ok ==> Delivered(c, w, p, me, n, p.pc.art, p.pc.art.ciphertext))
  {
    var art, r, ct := p.pc.art, w.recomputation, Recomputed(c, p.pc.art);
    var r1 := r.(admission := Some(RecomputeAdmission(art, art.subA, art.subB, p.now)), owner := Some(me));
    var r2 := r1.(executions := r1.executions + 1);
    One(c, w, p, me, n, w.(recomputation := r1), Prepare(art, Recompute));
    var p1 := p.(pc := Prepare(art, Recompute));
    if !c.enrolled(art.subA, art.subB, p.now) {
      One(c, w.(recomputation := r1), p1, me, n - 1, w.(recomputation := r1), Halted);
      Settled(c, w.(recomputation := r1), p.(pc := Halted), me, n - 2);
    } else if ct != art.ciphertext {
      var r3 := r2.(mismatch := Some(Mismatch(art, ct, p.now)));
      One(c, w.(recomputation := r1), p1, me, n - 1, w.(recomputation := r2), Prepare(art, RecordMismatch(ct)));
      One(c, w.(recomputation := r2), p.(pc := Prepare(art, RecordMismatch(ct))), me, n - 2, w.(recomputation := r3), Halted);
      Settled(c, w.(recomputation := r3), p.(pc := Halted), me, n - 3);
    } else {
      var r3 := r2.(ciphertext := Some(ct));
      var r4 := r3.(verified := Some(Verified(art, ct, p.now)));
      One(c, w.(recomputation := r1), p1, me, n - 1, w.(recomputation := r2), Prepare(art, StoreRecomputed(ct)));
      One(c, w.(recomputation := r2), p.(pc := Prepare(art, StoreRecomputed(ct))), me, n - 2,
          w.(recomputation := r3), Prepare(art, StoreVerified(ct)));
      One(c, w.(recomputation := r3), p.(pc := Prepare(art, StoreVerified(ct))), me, n - 3,
          w.(recomputation := r4), Release(art, AdmitRelease(ct)));
      AdmittedOutcome(c, w.(recomputation := r4), p.(pc := Release(art, AdmitRelease(ct))), me, n - 4);
    }
  }

  lemma {:induction false} PreparedOutcome(c: Case, w: World, p: Process, me: nat, n: nat)
    requires ValidCase(c) && WorldInv(c, w)
    requires p.pc.Prepare? && p.pc.inside.Participants? && n >= 17 && Accepted(w.inputs, p.pc.art)
    requires w.release.retained.None? && w.release.admission.None? && InWindow(c, p.now)
    ensures (Returns(c, w, p, me, n) <==> Releasable(c, w, p.now)) && (Halts(c, w, p, me, n) <==> !Releasable(c, w, p.now))
    ensures Releasable(c, w, p.now) ==> Delivered(c, w, p, me, n, p.pc.art, Recomputed(c, p.pc.art))
  {
    var art, r := p.pc.art, w.recomputation;
    assert w.release.published.None? && w.release.consumed.None?;
    if !FreshPair(c, art.subA, art.subB, p.now) {
      One(c, w, p, me, n, w, Halted);
      Settled(c, w, p.(pc := Halted), me, n - 1);
      return;
    }
    One(c, w, p, me, n, w, Prepare(art, MismatchTest));
    var p1 := p.(pc := Prepare(art, MismatchTest));
    if r.mismatch.Some? {
      One(c, w, p1, me, n - 1, w, Halted);
      Settled(c, w, p.(pc := Halted), me, n - 2);
      return;
    }
    One(c, w, p1, me, n - 1, w, Prepare(art, VerifiedTest));
    var p2 := p.(pc := Prepare(art, VerifiedTest));
    if r.verified.Some? {
      var ct := r.verified.value.recomputed;
      assert VerifiedLoads(r, art);
      One(c, w, p2, me, n - 2, w, Release(art, AdmitRelease(ct)));
      AdmittedOutcome(c, w, p.(pc := Release(art, AdmitRelease(ct))), me, n - 3);
    } else {
      One(c, w, p2, me, n - 2, w, Prepare(art, RecomputeTest));
      RecomputeRecordsClosed(c, w);
      RecomputedOutcome(c, w, p.(pc := Prepare(art, RecomputeTest)), me, n - 3);
    }
  }

  lemma {:induction false} RecomputeRecordsClosed(c: Case, w: World)
    requires WorldInv(c, w)
    ensures w.recomputation.admission.None? ==> w.recomputation.ciphertext.None?
  {
  }

  /**
   Exactly when an undisturbed attempt succeeds, in every reachable state: it returns if and only if
   it has a provenance, names the stored artifact and the stores are releasable; otherwise it halts. Both are
   settled after at most 21 steps. A first success delivers the recomputed bit; a later one the retained result.
   */
  lemma {:induction false} LoneReleaseExact(c: Case, before: seq<Action>, now: int, provenance: int, expected: Artifact)
    requires ValidCase(c)
    ensures var s := Reached(c, before);
            var p := Process(now, provenance, Start(expected));
            var ok := provenance != 0 && s.world.inputs.evaluated == Some(expected) && Releasable(c, s.world, now);
            && (Returns(c, s.world, p, |s.releases|, LONGEST) <==> ok)
            && (Halts(c, s.world, p, |s.releases|, LONGEST) <==> !ok)
            && (ok && s.world.release.retained.None? ==>
                  Delivered(c, s.world, p, |s.releases|, LONGEST, expected, c.recompute(expected.subA.pledge, expected.subB.pledge)))
            && (ok && s.world.release.retained.Some? ==>
                  var (w', p') := Alone(c, s.world, p, |s.releases|, LONGEST);
                  p'.pc == Returned(s.world.release.retained.value) && w'.release.published == s.world.release.retained && w'.release.consumed.Some?)
  {
    ReachedInv(c, before);
    var s := Reached(c, before);
    var w, me := s.world, |s.releases|;
    var p := Process(now, provenance, Start(expected));
    if !(provenance != 0 && InWindow(c, now) && Accepted(w.inputs, expected)) {
      One(c, w, p, me, LONGEST, w, Halted);
      Settled(c, w, p.(pc := Halted), me, LONGEST - 1);
      return;
    }
    var p1 := p.(pc := Retry(expected, RetryTest));
    One(c, w, p, me, LONGEST, w, p1.pc);
    if w.release.retained.Some? {
      RetryReturns(c, w, p1, me, LONGEST - 1);
      return;
    }
    var p2 := p.(pc := Release(expected, AdmissionTest));
    One(c, w, p1, me, LONGEST - 1, w, p2.pc);
    if w.release.admission.Some? {
      One(c, w, p2, me, LONGEST - 2, w, Halted);
      Settled(c, w, p.(pc := Halted), me, LONGEST - 3);
      return;
    }
    var p3 := p.(pc := Release(expected, ConsumedTest));
    One(c, w, p2, me, LONGEST - 2, w, p3.pc);
    assert w.release.consumed.None?;
    One(c, w, p3, me, LONGEST - 3, w, Prepare(expected, Participants));
    PreparedOutcome(c, w, p.(pc := Prepare(expected, Participants)), me, LONGEST - 4);
  }

  /** The stores stand before a recomputation whose outcome differs from the evaluator's ciphertext. */
  ghost predicate Divergent(c: Case, w: World, now: int) {
    && InWindow(c, now) && w.inputs.evaluated.Some? && ArtifactValid(w.inputs, w.inputs.evaluated.value)
    && w.release.retained.None? && w.release.admission.None? && w.release.consumed.None?
    && w.recomputation.mismatch.None? && w.recomputation.verified.None? && w.recomputation.admission.None?
    && var a := w.inputs.evaluated.value;
       FreshPair(c, a.subA, a.subB, now) && c.enrolled(a.subA, a.subB, now) && c.recompute(a.subA.pledge, a.subB.pledge) != a.ciphertext
  }

  /** Such an attempt records the mismatch, with what it recomputed and when, and touches nothing else. */
  lemma {:induction false} LoneMismatchIsRecorded(c: Case, w: World, now: int, provenance: int, me: nat)
    requires provenance != 0 && Divergent(c, w, now)
    ensures var a := w.inputs.evaluated.value;
            var (w', p') := Alone(c, w, Process(now, provenance, Start(a)), me, LONGEST);
            && p'.pc.Halted? && w'.inputs == w.inputs && w'.release == w.release
            && w'.recomputation.mismatch == Some(Mismatch(a, c.recompute(a.subA.pledge, a.subB.pledge), now))
            && w'.recomputation.admission == Some(RecomputeAdmission(a, a.subA, a.subB, now))
            && w'.recomputation.verified.None? && w'.recomputation.executions == w.recomputation.executions + 1
  {
    var a := w.inputs.evaluated.value;
    var p := Process(now, provenance, Start(a));
    One(c, w, p, me, LONGEST, w, Retry(a, RetryTest));
    One(c, w, p.(pc := Retry(a, RetryTest)), me, LONGEST - 1, w, Release(a, AdmissionTest));
    One(c, w, p.(pc := Release(a, AdmissionTest)), me, LONGEST - 2, w, Release(a, ConsumedTest));
    One(c, w, p.(pc := Release(a, ConsumedTest)), me, LONGEST - 3, w, Prepare(a, Participants));
    One(c, w, p.(pc := Prepare(a, Participants)), me, LONGEST - 4, w, Prepare(a, MismatchTest));
    One(c, w, p.(pc := Prepare(a, MismatchTest)), me, LONGEST - 5, w, Prepare(a, VerifiedTest));
    One(c, w, p.(pc := Prepare(a, VerifiedTest)), me, LONGEST - 6, w, Prepare(a, RecomputeTest));
    MismatchRuns(c, w, p.(pc := Prepare(a, RecomputeTest)), me, LONGEST - 7);
  }

  lemma {:induction false} MismatchRuns(c: Case, w: World, p: Process, me: nat, n: nat)
    requires p.pc.Prepare? && p.pc.inside.RecomputeTest? && n >= 14
    requires w.recomputation.mismatch.None? && w.recomputation.verified.None? && w.recomputation.admission.None?
    requires c.enrolled(p.pc.art.subA, p.pc.art.subB, p.now) && Recomputed(c, p.pc.art) != p.pc.art.ciphertext
    ensures var (w', p') := Alone(c, w, p, me, n);
            var art, r := p.pc.art, w.recomputation;
            && p'.pc.Halted?
            && w' == w.(recomputation := r.(admission := Some(RecomputeAdmission(art, art.subA, art.subB, p.now)), owner := Some(me),
                                            executions := r.executions + 1, mismatch := Some(Mismatch(art, Recomputed(c, art), p.now))))
  {
    var art, r, ct := p.pc.art, w.recomputation, Recomputed(c, p.pc.art);
    var r1 := r.(admission := Some(RecomputeAdmission(art, art.subA, art.subB, p.now)), owner := Some(me));
    var r2 := r1.(executions := r1.executions + 1);
    var r3 := r2.(mismatch := Some(Mismatch(art, ct, p.now)));
    One(c, w, p, me, n, w, Prepare(art, MismatchRetest));
    One(c, w, p.(pc := Prepare(art, MismatchRetest)), me, n - 1, w, Prepare(art, VerifiedRetest));
    One(c, w, p.(pc := Prepare(art, VerifiedRetest)), me, n - 2, w, Prepare(art, RecomputeRetest));
    One(c, w, p.(pc := Prepare(art, RecomputeRetest)), me, n - 3, w, Prepare(art, AdmitRecompute));
    One(c, w, p.(pc := Prepare(art, AdmitRecompute)), me, n - 4, w.(recomputation := r1), Prepare(art, Recompute));
    One(c, w.(recomputation := r1), p.(pc := Prepare(art, Recompute)), me, n - 5, w.(recomputation := r2), Prepare(art, RecordMismatch(ct)));
    One(c, w.(recomputation := r2), p.(pc := Prepare(art, RecordMismatch(ct))), me, n - 6, w.(recomputation := r3), Halted);
    Settled(c, w.(recomputation := r3), p.(pc := Halted), me, n - 7);
  }

  // ----- what a public result means

  /** The case's circuit is the policy circuit. */
  ghost predicate RunsPolicyCircuit(c: Case) {
    forall a, b :: c.recompute(a, b) == CircuitV5(a, b).conflict
  }

  /**
   Composition. Whatever the evaluator wrote, honest or forged: a result that was ever made public
   carries the plain policy decision on the two pledges the participants encrypted.
   */
  lemma {:induction false} PublicResultIsThePolicy(c: Case, actions: seq<Action>, a: Pledge, b: Pledge)
    requires ValidCase(c) && RunsPolicyCircuit(c)
    requires var w := Reached(c, actions).world;
             && w.release.published.Some?
             && w.inputs.submissionA.Some? && w.inputs.submissionA.value.pledge == Encode(a)
             && w.inputs.submissionB.Some? && w.inputs.submissionB.value.pledge == Encode(b)
    ensures Reached(c, actions).world.release.published.value.conflict == PlainConflict(a, b)
  {
    ReachedInv(c, actions);
    CircuitDecidesPolicy(a, b);
  }

  /**
   Whatever was published, the two submissions verified and their participants were enrolled, inside the case window, under two different nonces and
   not expired, when its recomputation was verified; and still inside the window and not expired when it was released.
   */
  lemma {:induction false} PublicResultIsEnrolled(c: Case, actions: seq<Action>)
    requires ValidCase(c)
    ensures var w := Reached(c, actions).world;
            w.release.published.Some? ==>
              var res := w.release.published.value;
              var x, y := res.artifact.subA, res.artifact.subB;
              && w.recomputation.verified.Some? && w.recomputation.verified.value.artifact == res.artifact
              && (var at := w.recomputation.verified.value.verifiedAt;
                  && c.enrolled(x, y, at) && c.created <= at && at < x.expiresAt <= c.expires && at < y.expiresAt <= c.expires)
              && c.genuine(x, true) && c.genuine(y, false) && x.nonce != 0 && y.nonce != 0 && x.nonce != y.nonce
              && c.created <= res.releasedAt && res.releasedAt < x.expiresAt && res.releasedAt < y.expiresAt
  {
    ReachedInv(c, actions);
  }

  /**
   Whatever was published is signed by the case's authority and says what the stores say: it names the evaluated
   artifact, which is of the two stored submissions and carries the stored ciphertext, the circuit's on their pledges;
   both evaluation records and the release admission name it too; and the bit is that ciphertext's, decrypted once.
   */
  lemma {:induction false} PublicResultIsTraced(c: Case, actions: seq<Action>)
    requires ValidCase(c)
    ensures var w := Reached(c, actions).world;
            w.release.published.Some? ==>
              var i, l, res := w.inputs, w.release, w.release.published.value;
              var a := res.artifact;
              && i.evaluated == Some(a) && i.submissionA == Some(a.subA) && i.submissionB == Some(a.subB)
              && i.ciphertext == Some(a.ciphertext) && res.ciphertext == a.ciphertext == c.recompute(a.subA.pledge, a.subB.pledge)
              && i.admission.Some? && i.admission.value.subA == a.subA && i.admission.value.subB == a.subB
              && i.admission.value.provenance == a.provenance != 0 && i.completed.Some? && i.completed.value.artifact == a
              && w.recomputation.verified.Some? && w.recomputation.verified.value.artifact == a
              && w.recomputation.ciphertext == Some(a.ciphertext) && w.recomputation.verified.value.recomputed == a.ciphertext
              && l.retained == Some(res) && l.admission.Some? && l.admission.value.artifact == a
              && l.decryptions == l.signatures == 1 && res.signer == c.authority && res.provenance != 0
              && res.ciphertext.slots[0] == (if res.conflict then 1 else 0)
              && (forall k :: 0 < k < SLOTS ==> res.ciphertext.slots[k] == 0)
  {
    ReachedInv(c, actions);
  }

  /** Even for dishonest inputs a public conflict implies a nonzero identity verdict, on either order of the sides. */
  lemma {:induction false} PublicConflictNeedsIdentity(c: Case, actions: seq<Action>)
    requires ValidCase(c) && RunsPolicyCircuit(c)
    requires Reached(c, actions).world.release.published.Some?
    ensures var res := Reached(c, actions).world.release.published.value;
            var x, y := res.artifact.subA.pledge, res.artifact.subB.pledge;
            && res.conflict == (CircuitV5(y, x).conflict.slots[0] == 1)
            && (res.conflict ==> CircuitV5(x, y).sameAsset.slots[0] != 0)
  {
    ReachedInv(c, actions);
    var res := Reached(c, actions).world.release.published.value;
    ArbitraryInputs(res.artifact.subA.pledge, res.artifact.subB.pledge);
  }

  predicate Forged(a: Action) {
    a.ForgeAdmission? || a.ForgeCiphertext? || a.ForgeArtifact? || a.ForgeCompleted?
  }

  /** Everything an honest evaluation holds or stored is the recomputable ciphertext. */
  ghost predicate HonestEvaluations(c: Case, s: State) {
    && (s.world.inputs.evaluated.Some? ==>
          var e := s.world.inputs.evaluated.value; e.ciphertext == Recomputed(c, e))
    && forall k :: 0 <= k < |s.evaluations| ==>
         match s.evaluations[k].pc
         case EvalStoreResult(subA, subB, ct) => ct == c.recompute(subA.pledge, subB.pledge)
         case EvalStoreArtifact(subA, subB, ct) => ct == c.recompute(subA.pledge, subB.pledge)
         case _ => true
  }

  lemma {:induction false} ReleaseLeavesInputs(c: Case, s: State, k: nat)
    requires ValidCase(c) && Inv(c, s)
    ensures Apply(c, s, RunRelease(k)).world.inputs == s.world.inputs
  {
    if k < |s.releases| {
      StepGood(c, s.world, s.releases[k], k);
    }
  }

  lemma {:induction false} HonestStep(c: Case, s: State, a: Action)
    requires ValidCase(c) && Inv(c, s) && HonestEvaluations(c, s) && !Forged(a)
    ensures HonestEvaluations(c, Apply(c, s, a))
  {
    if a.RunRelease? {
      ReleaseLeavesInputs(c, s, a.who);
    }
  }

  /** Without forgery the evaluated artifact is always recomputable, so a mismatch is never recorded. */
  lemma {:induction false} HonestEvaluatorNeverMismatches(c: Case, actions: seq<Action>)
    requires ValidCase(c) && forall a <- actions :: !Forged(a)
    ensures HonestEvaluations(c, Reached(c, actions))
    ensures Reached(c, actions).world.recomputation.mismatch.None?
  {
    ReachedInv(c, actions);
    if actions != [] {
      var n := |actions| - 1;
      HonestEvaluatorNeverMismatches(c, actions[..n]);
      ReachedInv(c, actions[..n]);
      HonestStep(c, Reached(c, actions[..n]), actions[n]);
    }
  }

  /** Honest encodings always decode canonically, so for them the road of LoneReleaseExact is never blocked by the decoder. */
  lemma {:induction false} HonestPledgesAreCanonical(c: Case, a: Pledge, b: Pledge)
    requires RunsPolicyCircuit(c)
    ensures Canonical(c.recompute(Encode(a), Encode(b)))
  {
    CircuitDecidesPolicy(a, b);
  }
}
