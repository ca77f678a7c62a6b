/**
 What stands behind a public result. For the governed release: the enrollment gate of the case. For the
 coalition release: the ceremony, the operators' gate and the combination, so that the public bits are the policy's.
 */
module PublicResults {
  import opened Basics
  import opened SlotVectors
  import opened PolicyCircuit
  import opened Enrollments
  import opened ReleaseGuarantees
  import opened ReleaseGateGuarantees
  import GovernedRelease
  import ReleaseGate
  import CoalitionResults
  import Ceremony
  import CeremonyShares
  import CeremonyForms
  import CeremonyDriver
  import SecretSharing

  // ----- the governed release and its enrollments

  /** The three circuit inputs of a submission. */
  function SideOf(p: CipherPledge): Digest {
    OfSide(Polynomials(2, SLOTS, p.policyBits), Polynomials(2, SLOTS, p.currencyBits), Polynomials(2, SLOTS, p.receivableBits))
  }

  /** The artifact under which a participant of the case publishes a submission. */
  function ArtifactOf(f: Facts, role: Role, s: GovernedRelease.Submission): Enrollments.Artifact {
    Enrollments.Artifact(f.session, f.caseId, Own(f, role).id, role, f.publicKey, f.fingerprint, f.circuit,
                         SideOf(s.pledge), if s.nonce == 0 then Zero else Word(s.nonce), s.expiresAt)
  }

  /** The enrollment records of the case, the deployed adapters, and the evaluator that checks them. */
  datatype Gate = Gate(adapters: Adapters, evaluator: Evaluator, facts: Facts, recordA: Record, recordB: Record)

  function Opens(g: Gate, a: GovernedRelease.Submission, b: GovernedRelease.Submission, now: int): bool {
    var ta, tb := ArtifactOf(g.facts, RoleA, a), ArtifactOf(g.facts, RoleB, b);
    VerifyCaseEnrollments(g.adapters, g.evaluator, g.facts, ta, OfArtifact(ta), SideOf(a.pledge), tb, OfArtifact(tb), SideOf(b.pledge),
                          g.recordA, g.recordB, now).Ok?
  }

  /** The case asks this gate. */
  ghost predicate Gated(c: GovernedRelease.Case, g: Gate) {
    forall a, b, now :: c.enrolled(a, b, now) == Opens(g, a, b, now)
  }

  /**
   In every run of a gated case: whatever is public was recomputed at a time when both stored enrollments were the
   ones the case derives for the two submissions, the two sides' inputs and nonces differed, neither participant was
   revoked, and case and submissions were live.
   */
  lemma {:induction false} PublicResultPassedTheGate(c: GovernedRelease.Case, g: Gate, actions: seq<GovernedRelease.Action>)
    requires GovernedRelease.ValidCase(c) && Gated(c, g)
    ensures var w := Reached(c, actions).world;
            w.release.published.Some? ==>
              var a, b := w.release.published.value.artifact.subA, w.release.published.value.artifact.subB;
              var ta, tb := ArtifactOf(g.facts, RoleA, a), ArtifactOf(g.facts, RoleB, b);
              && w.recomputation.verified.Some?
              && var at := w.recomputation.verified.value.verifiedAt;
                 && Reconstruct(g.adapters, g.facts, ta, OfArtifact(ta), RoleA, SideOf(a.pledge), g.recordA).Ok?
                 && Reconstruct(g.adapters, g.facts, tb, OfArtifact(tb), RoleB, SideOf(b.pledge), g.recordB).Ok?
                 && a.nonce != b.nonce && SideOf(a.pledge) != SideOf(b.pledge)
                 && g.facts.publicKey == g.evaluator.keyId && g.facts.fingerprint == g.evaluator.fingerprint
                 && !Revoked(g.evaluator, g.facts.a.key) && !Revoked(g.evaluator, g.facts.b.key)
                 && c.created <= at <= c.expires && g.facts.created <= at < a.expiresAt && at < b.expiresAt
  {
    var w := Reached(c, actions).world;
    PublicResultIsEnrolled(c, actions);
    if w.release.published.Some? {
      var a, b := w.release.published.value.artifact.subA, w.release.published.value.artifact.subB;
      var at := w.recomputation.verified.value.verifiedAt;
      assert c.enrolled(a, b, at) == Opens(g, a, b, at);
      OpenGate(g, a, b, at);
    }
  }

  lemma {:induction false} OpenGate(g: Gate, a: GovernedRelease.Submission, b: GovernedRelease.Submission, now: int)
    requires Opens(g, a, b, now)
    ensures var ta, tb := ArtifactOf(g.facts, RoleA, a), ArtifactOf(g.facts, RoleB, b);
            && Reconstruct(g.adapters, g.facts, ta, OfArtifact(ta), RoleA, SideOf(a.pledge), g.recordA).Ok?
            && Reconstruct(g.adapters, g.facts, tb, OfArtifact(tb), RoleB, SideOf(b.pledge), g.recordB).Ok?
            && a.nonce != b.nonce && SideOf(a.pledge) != SideOf(b.pledge)
            && g.facts.publicKey == g.evaluator.keyId && g.facts.fingerprint == g.evaluator.fingerprint
            && !Revoked(g.evaluator, g.facts.a.key) && !Revoked(g.evaluator, g.facts.b.key) && g.facts.created <= now
  {
    var ta, tb := ArtifactOf(g.facts, RoleA, a), ArtifactOf(g.facts, RoleB, b);
    CaseGateExact(g.adapters, g.evaluator, g.facts, ta, OfArtifact(ta), SideOf(a.pledge), tb, OfArtifact(tb), SideOf(b.pledge),
                  g.recordA, g.recordB, now);
  }

  // ----- the coalition release and the policy

  /** A completed 2-of-n ceremony, its manifest and the ciphertext algebra. */
  datatype Setting = Setting(
    x: ReleaseGate.Scheme, cx: Ceremony.Scheme, roster: Ceremony.Roster, members: seq<Ceremony.Member>, policyId: int,
    material: CeremonyDriver.Material, manifest: ReleaseGate.Manifest)

  ghost predicate Ready(t: Setting) {
    && Ceremony.ValidScheme(t.cx) && CeremonyForms.Driven(t.roster, t.members)
    && CeremonyDriver.Completed(t.cx, t.roster, t.members, t.policyId, t.material) && t.roster.threshold == 2
    && SecretSharing.Prime(t.x.q) && |t.members| < t.x.q && t.manifest.threshold == 2
  }

  /** Two operators of the setting, and what each was shown. */
  datatype Quorum = Quorum(i: nat, o: ReleaseGate.Operator, s: Served, j: nat, o': ReleaseGate.Operator, s': Served)

  /** Both accepted one request naming them, over encodings of the pledges `a` and `b` that the collective secret opens. */
  ghost predicate Serves(t: Setting, u: Quorum, a: Pledge, b: Pledge)
    requires Ready(t)
  {
    && Sealed(t.members, t.material.shares, t.manifest, u.i, u.o) && Sealed(t.members, t.material.shares, t.manifest, u.j, u.o') && u.i != u.j
    && Accepts(u.o, u.s) && Accepts(u.o', u.s') && u.s.request == u.s'.request && u.s.request.coalition == (u.i + 1, u.j + 1)
    && u.s.request.enrollmentA.value.enrollment.ciphertexts == PledgeSide(a)
    && u.s.request.enrollmentB.value.enrollment.ciphertexts == PledgeSide(b)
    && var secret, out := CeremonyShares.SecretSum(t.members, |t.members|), Recomputed(u.s.request);
       ReleaseGate.Opens(t.x, secret, out.sameAsset) && ReleaseGate.Opens(t.x, secret, out.conflict)
  }

  /** What the quorum's responses combine to for one slot. */
  ghost predicate Combines(t: Setting, u: Quorum, slot: nat, bit: bool)
    requires Accepts(u.o, u.s)
  {
    var c := ReleaseGate.OutputFor(Recomputed(u.s.request), slot);
    Releases(t.x, t.manifest, u.o, u.o',
             ReleaseGate.DescriptorForSlot(t.x, u.s.request.descriptor, c, u.s.request.coalition, slot, t.manifest.keyId), c, bit)
  }

  /** A quorum served, and `found` carries the two bits its responses combine to. */
  ghost predicate Arrival(t: Setting, u: Quorum, a: Pledge, b: Pledge, found: CoalitionResults.ReleaseResult)
    requires Ready(t)
  {
    Serves(t, u, a, b) && Combines(t, u, 0, found.sameAsset) && Combines(t, u, 1, found.conflict)
  }

  /** A combination yields one bit. */
  lemma {:induction false} OneBit(x: ReleaseGate.Scheme, man: ReleaseGate.Manifest, o: ReleaseGate.Operator, o': ReleaseGate.Operator,
                                  d: ReleaseGate.SlotDescriptor, c: Cipher, bit: bool, bit': bool)
    requires Releases(x, man, o, o', d, c, bit) && Releases(x, man, o, o', d, c, bit')
    ensures bit == bit'
  {
    var slots :| PairOpens(x, man, o, o', d, c, slots) && ReleaseGate.Canonical(slots) && (slots[0] == 1 <==> bit);
    var slots' :| PairOpens(x, man, o, o', d, c, slots') && ReleaseGate.Canonical(slots') && (slots'[0] == 1 <==> bit');
    assert slots == slots';
  }

  lemma {:induction false} CombinesOnce(t: Setting, u: Quorum, slot: nat, bit: bool, bit': bool)
    requires Accepts(u.o, u.s) && Combines(t, u, slot, bit) && Combines(t, u, slot, bit')
    ensures bit == bit'
  {
    var c := ReleaseGate.OutputFor(Recomputed(u.s.request), slot);
    OneBit(t.x, t.manifest, u.o, u.o',
           ReleaseGate.DescriptorForSlot(t.x, u.s.request.descriptor, c, u.s.request.coalition, slot, t.manifest.keyId), c, bit, bit');
  }

  lemma {:induction false} ServingCombines(t: Setting, u: Quorum, a: Pledge, b: Pledge)
    requires Ready(t) && Serves(t, u, a, b)
    ensures Combines(t, u, 0, PlainSameAsset(a, b)) && Combines(t, u, 1, PlainConflict(a, b))
  {
    CoalitionReleasesThePolicy(t.x, t.cx, t.roster, t.members, t.policyId, t.material, t.manifest, u.i, u.o, u.s, u.j, u.o', u.s', a, b);
  }

  lemma {:induction false} ArrivalIsThePolicy(t: Setting, u: Quorum, a: Pledge, b: Pledge, found: CoalitionResults.ReleaseResult)
    requires Ready(t) && Arrival(t, u, a, b, found)
    ensures found.sameAsset == PlainSameAsset(a, b) && found.conflict == PlainConflict(a, b)
  {
    ServingCombines(t, u, a, b);
    CombinesOnce(t, u, 0, found.sameAsset, PlainSameAsset(a, b));
    CombinesOnce(t, u, 1, found.conflict, PlainConflict(a, b));
  }

  /**
   In every run of coalition release attempts, interleaved and crashing anywhere, whose arrivals are what serving
   quorums combine: every public, consumed or returned result carries the plain policy's two bits.
   */
  lemma {:induction false} PublicCoalitionResultIsThePolicy(t: Setting, a: Pledge, b: Pledge, es: seq<CoalitionResults.Event>)
    requires Ready(t)
    requires forall k :: 0 <= k < |es| && es[k].Arrive? ==> exists u :: Arrival(t, u, a, b, es[k].found)
    ensures var w := CoalitionResults.Run(CoalitionResults.Fresh(), es);
            && (w.result.Some? ==>
                  w.result.value.sameAsset == PlainSameAsset(a, b) && w.result.value.conflict == PlainConflict(a, b))
            && forall p :: p in w.attempts && w.attempts[p].Returned? ==>
                 w.attempts[p].result.sameAsset == PlainSameAsset(a, b) && w.attempts[p].result.conflict == PlainConflict(a, b)
  {
    var good := (v: CoalitionResults.ReleaseResult) => v.sameAsset == PlainSameAsset(a, b) && v.conflict == PlainConflict(a, b);
    forall k | 0 <= k < |es| && es[k].Arrive?
      ensures good(es[k].found)
    {
      var u :| Arrival(t, u, a, b, es[k].found);
      ArrivalIsThePolicy(t, u, a, b, es[k].found);
    }
    CoalitionResults.ResultsComeFromArrivals(good, es);
    var w := CoalitionResults.Run(CoalitionResults.Fresh(), es);
    forall p | p in w.attempts && w.attempts[p].Returned?
      ensures good(w.attempts[p].result)
    {
      assert CoalitionResults.Carried(w.attempts[p]) == Some(w.attempts[p].result);
    }
  }
}
